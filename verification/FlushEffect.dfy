/** The effect of a flush on the committed table, for any map order and any point of failure. */
module FlushEffect {
  import opened Basics
  import opened Lexer
  import opened Batches
  import opened Statements
  import opened SqlText
  import opened Database
  import opened WriterSpec
  import opened FlushMeaning

  // ---------------------------------------------------------------- tables without their stamps

  function WithoutStamp(cfg: Config, row: Row): Row { row - {Lower(cfg.sinceColumn)} }

  /** The table apart from the since column. */
  function View(cfg: Config, t: Table): Table { map k | k in t :: WithoutStamp(cfg, t[k]) }

  /** What a write leaves in a table, apart from the since column. */
  function RowOf(cfg: Config): Op -> Row { (op: Op) => WithoutStamp(cfg, Content(cfg, op)) }

  lemma StampIsHidden(cfg: Config, env: Env, op: Op, tick: nat)
    ensures WithoutStamp(cfg, RowAt(cfg, env, op, tick)) == RowOf(cfg)(op)
  {
    hide Content;
  }

  lemma ViewOfDelete(cfg: Config, t: Table, ids: seq<string>)
    ensures View(cfg, Delete(t, ids)) == Delete(View(cfg, t), ids)
  {
  }

  // ---------------------------------------------------------------- blocks

  /** Between blocks nothing is pending and the transaction is open. */
  ghost predicate Idle(sch: Schema, c: Conn) {
    !c.done && c.working == c.committed && Keyed(sch, c.committed)
  }

  /** After a failure the transaction has ended and nothing is pending. */
  ghost predicate Ended(c: Conn) {
    c.done && c.working == c.committed
  }

  /** A block of readable statements commits all of its statements or, for others to see, none. */
  lemma {:induction false} AttemptBlock(sch: Schema, env: Env, c: Conn, stmts: seq<Stmt>)
    requires Idle(sch, c) && stmts != [] && forall s :: s in stmts ==> Readable(s)
    ensures var (c', ok) := Attempt(sch, env, c, BlockText(stmts));
            var r := RunStmts(sch, env, c.committed, stmts, c.tick + 1);
            && (ok <==> !env.fails(c.tick) && r.ok && !env.fails(r.tick))
            && (ok ==> Idle(sch, c') && c'.committed == r.table && c'.tick == r.tick + 1)
            && (!ok ==> Ended(c') && c'.committed == c.committed)
            && c.tick <= c'.tick
  {
    hide BlockText;
    hide ParseBlock;
    hide RunStmts;
    BlockTextRoundTrip(stmts);
    RunKeepsKeys(sch, env, c.committed, stmts, c.tick + 1);
  }

  lemma {:induction false} DeleteFacts(cfg: Config, sch: Schema, env: Env, batch: seq<Op>, c: Conn)
    requires IdsUnconverted(cfg) && CleanBatch(cfg, batch) && Idle(sch, c) && batch != []
    ensures FlushDeletes(cfg, sch, env, batch, c) == Attempt(sch, env, c, BlockText([DeleteStmt(cfg, Ids(batch))]))
    ensures Ids(batch) != [] && (forall k :: k in Ids(batch) ==> IsPlain(k))
    ensures Keyed(sch, c.committed) && ConversionOf(cfg.mappings, "id") == Unchanged
  {
    hide Attempt;
    hide BlockText;
    hide CleanOp;
    WinnersAreClean(cfg, batch);
    assert batch == Init(batch) + [Last(batch)];
  }

  lemma {:induction false} DeleteHalf(cfg: Config, sch: Schema, env: Env, batch: seq<Op>, c: Conn)
    requires Fits(cfg, sch) && IdsUnconverted(cfg) && CleanBatch(cfg, batch) && Idle(sch, c) && batch != []
    ensures var (c', ok) := FlushDeletes(cfg, sch, env, batch, c);
            && (ok <==> CalmFor(env, c.tick, 3))
            && (ok ==> Idle(sch, c') && c'.committed == Delete(c.committed, Ids(batch)) && c'.tick == c.tick + 3)
            && (!ok ==> Ended(c') && c'.committed == c.committed)
            && c.tick <= c'.tick
  {
    hide *;
    var ids, stmt := Ids(batch), DeleteStmt(cfg, Ids(batch));
    DeleteFacts(cfg, sch, env, batch, c);
    DeleteIsReadable(cfg, sch, ids);
    AttemptBlock(sch, env, c, [stmt]);
    DeleteRuns(cfg, sch, env, c.committed, ids, c.tick + 1);
    var r := RunStmts(sch, env, c.committed, [stmt], c.tick + 1);
    BlockOk(env, c.tick, 1, r.ok, r.tick);
  }

  lemma {:induction false} DeleteRuns(cfg: Config, sch: Schema, env: Env, t: Table, ids: seq<string>, tick: nat)
    requires Fits(cfg, sch) && IdsUnconverted(cfg) && Keyed(sch, t)
    ensures var r := RunStmts(sch, env, t, [DeleteStmt(cfg, ids)], tick);
            if CalmFor(env, tick, 1) then r == Outcome(true, Delete(t, ids), tick + 1) else !r.ok && r.tick >= tick
  {
    hide ExecStmt;
    hide Delete;
    DeleteRemoves(cfg, sch, t, ids, env.time(tick));
    assert [DeleteStmt(cfg, ids)][1..] == [];
    CalmOnce(env, tick);
  }

  /** Row k of the new table is an old row, or the winner of k stamped at a tick in between. */
  ghost predicate OldOrStamped(cfg: Config, env: Env, before: Table, w: map<string, Op>, k: string, row: Row, from: nat, to: nat) {
    (k !in w && k in before && row == before[k]) ||
    (k in w && exists n: nat :: from <= n < to && row == RowAt(cfg, env, w[k], n))
  }

  lemma CalmSplit(env: Env, tick: nat, n: nat, m: nat)
    ensures CalmFor(env, tick, n + m) <==> CalmFor(env, tick, n) && CalmFor(env, tick + n, m)
  {
    if CalmFor(env, tick, n) && CalmFor(env, tick + n, m) {
      forall i: nat | tick <= i < tick + (n + m) ensures !env.fails(i) {
        if i < tick + n {} else { assert tick + n <= i < tick + n + m; }
      }
    }
  }

  lemma ApplyNothing<R>(t: map<string, R>, row: Op -> R)
    ensures ApplyBatch(t, [], row) == t
  {
  }

  lemma CalmOnce(env: Env, tick: nat)
    ensures CalmFor(env, tick, 1) <==> !env.fails(tick)
    ensures CalmFor(env, tick, 0)
  {
  }

  lemma {:induction false} InsertedIsStamped(cfg: Config, env: Env, t: Table, w: map<string, Op>, order: seq<string>, tick: nat, to: nat)
    requires IsListing(order, w.Keys) && (forall k :: k in w ==> k !in t) && tick + |order| <= to
    ensures var r := Inserted(cfg, env, t, w, order, tick);
            && r.Keys == t.Keys + w.Keys
            && AllStamped(cfg, env, t, w, r, tick, to)
  {
    hide RowAt;
    InsertedHolds(cfg, env, t, w, order, tick);
    var r := Inserted(cfg, env, t, w, order, tick);
    forall k | k in r ensures OldOrStamped(cfg, env, t, w, k, r[k], tick, to) {
      if k in w {
        assert k in order;
        var i :| 0 <= i < |order| && order[i] == k;
        assert r[order[i]] == RowAt(cfg, env, w[order[i]], tick + i);
      }
    }
  }

  lemma InsertsAreReadable(cfg: Config, sch: Schema, w: map<string, Op>, order: seq<string>)
    requires Fits(cfg, sch) && forall k :: k in w ==> CleanOp(cfg, w[k])
    requires forall k :: k in order ==> k in w
    ensures forall s :: s in InsertStmts(cfg, w, order) ==> Readable(s)
  {
    hide CleanOp;
    hide InsertStmt;
    hide Readable;
    var stmts := InsertStmts(cfg, w, order);
    forall s | s in stmts ensures Readable(s) {
      var i :| 0 <= i < |stmts| && stmts[i] == s;
      assert order[i] in order;
      InsertIsReadable(cfg, sch, w[order[i]]);
    }
  }

  lemma ListingFacts(order: seq<string>, w: map<string, Op>)
    requires IsListing(order, w.Keys)
    ensures forall k :: k in order ==> k in w
    ensures forall i, j :: 0 <= i < j < |order| ==> order[i] != order[j]
  {
  }

  /** The insert block in a given order. */
  lemma {:induction false} InsertBlockMeans(cfg: Config, sch: Schema, env: Env, w: map<string, Op>, order: seq<string>, c: Conn)
    requires Fits(cfg, sch) && IdsUnconverted(cfg) && Idle(sch, c) && IsListing(order, w.Keys) && order != []
    requires forall k :: k in w ==> CleanOp(cfg, w[k]) && w[k].id == k && k !in c.committed
    ensures forall k :: k in order ==> k in w
    ensures var (c', ok) := Attempt(sch, env, c, BlockText(InsertStmts(cfg, w, order)));
            && (ok <==> CalmFor(env, c.tick, |order| + 2))
            && (ok ==> Idle(sch, c') && c'.committed == Inserted(cfg, env, c.committed, w, order, c.tick + 1) && c'.tick == c.tick + 2 + |order|)
            && (!ok ==> Ended(c') && c'.committed == c.committed)
            && c.tick <= c'.tick
  {
    ListingFacts(order, w);
    hide *;
    var stmts := InsertStmts(cfg, w, order);
    InsertsAreReadable(cfg, sch, w, order);
    AttemptBlock(sch, env, c, stmts);
    InsertsRun(cfg, sch, env, c.committed, w, order, c.tick + 1);
    var r := RunStmts(sch, env, c.committed, stmts, c.tick + 1);
    BlockOk(env, c.tick, |order|, r.ok, r.tick);
  }

  /** A block of n statements takes n + 2 ticks. */
  lemma BlockOk(env: Env, tick: nat, n: nat, ok: bool, end: nat)
    requires if CalmFor(env, tick + 1, n) then ok && end == tick + 1 + n else !ok
    ensures !env.fails(tick) && ok && !env.fails(end) <==> CalmFor(env, tick, n + 2)
  {
    CalmSplit(env, tick, 1, n);
    CalmSplit(env, tick, 1 + n, 1);
    CalmOnce(env, tick);
    CalmOnce(env, tick + 1 + n);
  }

  lemma {:induction false} InsertHalf(cfg: Config, sch: Schema, env: Env, batch: seq<Op>, c: Conn)
    requires env.Valid() && Fits(cfg, sch) && IdsUnconverted(cfg) && CleanBatch(cfg, batch) && Idle(sch, c)
    requires Winners(batch) != map[] && forall k :: k in Winners(batch) ==> k !in c.committed
    ensures var (c', ok) := FlushInserts(cfg, sch, env, batch, c);
            var w := Winners(batch);
            && (ok <==> CalmFor(env, c.tick, |w| + 2))
            && (ok ==> Idle(sch, c') && c'.committed.Keys == c.committed.Keys + w.Keys && c'.tick == c.tick + (|w| + 2))
            && (ok ==> AllStamped(cfg, env, c.committed, w, c'.committed, c.tick + 1, c'.tick))
            && (!ok ==> Ended(c') && c'.committed == c.committed)
            && c.tick <= c'.tick
  {
    var w := Winners(batch);
    var order := env.order(w.Keys, c.tick);
    assert IsListing(order, w.Keys);
    var f := FlushInserts(cfg, sch, env, batch, c);
    assert f == Attempt(sch, env, c, BlockText(InsertStmts(cfg, w, order)));
    hide *;
    ListingLength(order, w);
    WinnersAreClean(cfg, batch);
    InsertBlockMeans(cfg, sch, env, w, order, c);
    if f.1 {
      InsertedIsStamped(cfg, env, c.committed, w, order, c.tick + 1, f.0.tick);
    }
  }

  lemma {:induction false} ListingLength(order: seq<string>, w: map<string, Op>)
    requires IsListing(order, w.Keys)
    ensures |order| == |w|
    decreases |order|
  {
    if order == [] {
      assert w.Keys == {};
    } else {
      var k, rest := order[0], order[1..];
      assert k in order;
      var w' := w - {k};
      assert w'.Keys == w.Keys - {k};
      forall x ensures x in rest <==> x in w'.Keys {
        if x in rest { assert x in order; }
      }
      ListingLength(rest, w');
      assert |w.Keys| == |w'.Keys| + 1;
    }
  }

  // ---------------------------------------------------------------- the whole flush

  /** Ticks a failure-free flush of the batch takes. */
  function FlushTicks(batch: seq<Op>): nat {
    if batch == [] then 0 else if Winners(batch) == map[] then 3 else 5 + |Winners(batch)|
  }

  lemma FlushOk(env: Env, tick: nat, n: nat, deleted: bool, inserted: bool, tick': nat, none: bool)
    requires deleted <==> CalmFor(env, tick, 3)
    requires deleted && !none ==> tick' == tick + 3 && (inserted <==> CalmFor(env, tick', n + 2))
    ensures (if !deleted || none then deleted else inserted) <==> CalmFor(env, tick, if none then 3 else 3 + (n + 2))
  {
    CalmSplit(env, tick, 3, n + 2);
  }

  /** After the deletes no winner is in the table, and what is left was there before. */
  lemma {:induction false} DeletedFirst(cfg: Config, env: Env, before: Table, batch: seq<Op>, from: nat, to: nat)
    ensures forall k :: k in Winners(batch) ==> k !in Delete(before, Ids(batch))
    ensures forall k :: k in Delete(before, Ids(batch)) ==>
              k in before && Delete(before, Ids(batch))[k] == before[k] &&
              OldOrStamped(cfg, env, before, Winners(batch), k, before[k], from, to)
    ensures Winners(batch) == map[] ==> Delete(before, Ids(batch)).Keys == Delete(before, Ids(batch)).Keys + Winners(batch).Keys
  {
    hide RowAt;
    IdsExact(batch);
  }

  /** Rows that are old after the deletes were old before them. */
  lemma Inherited(cfg: Config, env: Env, before: Table, ids: seq<string>, w: map<string, Op>, after: Table, early: nat, from: nat, to: nat)
    requires early <= from && forall k :: k in after ==> OldOrStamped(cfg, env, Delete(before, ids), w, k, after[k], from, to)
    ensures forall k :: k in after ==> OldOrStamped(cfg, env, before, w, k, after[k], early, to)
  {
    hide RowAt;
    forall k | k in after ensures OldOrStamped(cfg, env, before, w, k, after[k], early, to) {
      assert OldOrStamped(cfg, env, Delete(before, ids), w, k, after[k], from, to);
    }
  }

  /**
   * The flush ended in c' and reported ok.
   * It fails only where the environment makes a statement fail: it never collides with a row,
   * whatever the order of the map. When it succeeds the table is the batch applied to the
   * table before. When it fails, others see the table before, or only the delete half; never
   * a part of the deletes or a part of the inserts. Every row is an old one, or the newest
   * write of its id stamped during the flush.
   */
  ghost predicate Flushed(cfg: Config, sch: Schema, env: Env, batch: seq<Op>, c: Conn, c': Conn, ok: bool) {
    && (ok <==> CalmFor(env, c.tick, FlushTicks(batch)))
    && (ok ==> c'.tick == c.tick + FlushTicks(batch))
    && (ok ==> Idle(sch, c') && View(cfg, c'.committed) == ApplyBatch(View(cfg, c.committed), batch, RowOf(cfg)))
    && (!ok ==> Ended(c') && (c'.committed == c.committed || c'.committed == Delete(c.committed, Ids(batch))))
    && AllOldOrNew(cfg, env, c.committed, Winners(batch), c'.committed, c.tick, c'.tick)
    && c.tick <= c'.tick
  }

  /** Like OldOrStamped, but a failed flush may also leave an old row of an id it wanted to write. */
  ghost predicate OldOrNew(cfg: Config, env: Env, before: Table, w: map<string, Op>, k: string, row: Row, from: nat, to: nat) {
    OldOrStamped(cfg, env, before, w, k, row, from, to) || (k in before && row == before[k])
  }

  lemma DeletesFail(cfg: Config, sch: Schema, env: Env, batch: seq<Op>, c: Conn)
    requires Fits(cfg, sch) && IdsUnconverted(cfg) && CleanBatch(cfg, batch) && Idle(sch, c) && batch != []
    requires !FlushDeletes(cfg, sch, env, batch, c).1
    ensures Flushed(cfg, sch, env, batch, c, FlushDeletes(cfg, sch, env, batch, c).0, false)
  {
    hide CalmFor;
    hide FlushDeletes;
    DeleteHalf(cfg, sch, env, batch, c);
    FlushOk(env, c.tick, |Winners(batch)|, false, false, c.tick, false);
  }

  lemma {:induction false} NothingToInsert(cfg: Config, sch: Schema, env: Env, batch: seq<Op>, c: Conn)
    requires Fits(cfg, sch) && IdsUnconverted(cfg) && CleanBatch(cfg, batch) && Idle(sch, c) && batch != []
    requires FlushDeletes(cfg, sch, env, batch, c).1 && Winners(batch) == map[]
    ensures Flushed(cfg, sch, env, batch, c, FlushDeletes(cfg, sch, env, batch, c).0, true)
  {
    hide CalmFor;
    hide FlushDeletes;
    var d := FlushDeletes(cfg, sch, env, batch, c);
    DeleteHalf(cfg, sch, env, batch, c);
    DeletedFirst(cfg, env, c.committed, batch, c.tick, d.0.tick);
    ApplyByKeys(cfg, env, c.committed, d.0.committed, batch, c.tick, d.0.tick);
  }

  ghost predicate AllStamped(cfg: Config, env: Env, before: Table, w: map<string, Op>, after: Table, from: nat, to: nat) {
    forall k :: k in after ==> OldOrStamped(cfg, env, before, w, k, after[k], from, to)
  }

  ghost predicate AllOldOrNew(cfg: Config, env: Env, before: Table, w: map<string, Op>, after: Table, from: nat, to: nat) {
    forall k :: k in after ==> OldOrNew(cfg, env, before, w, k, after[k], from, to)
  }

  /** The table after both halves, from the table between them. */
  lemma {:induction false} AppliedBoth(cfg: Config, env: Env, batch: seq<Op>, before: Table, between: Table, after: Table, from: nat, mid: nat, to: nat)
    requires between == Delete(before, Ids(batch)) && after.Keys == between.Keys + Winners(batch).Keys && from <= mid
    requires AllStamped(cfg, env, between, Winners(batch), after, mid, to)
    ensures View(cfg, after) == ApplyBatch(View(cfg, before), batch, RowOf(cfg))
    ensures AllOldOrNew(cfg, env, before, Winners(batch), after, from, to)
  {
    hide OldOrStamped;
    hide OldOrNew;
    hide View;
    hide ApplyBatch;
    hide Delete;
    hide Ids;
    hide Winners;
    Inherited(cfg, env, before, Ids(batch), Winners(batch), after, from, mid, to);
    ApplyByKeys(cfg, env, before, after, batch, from, to);
    forall k | k in after ensures OldOrNew(cfg, env, before, Winners(batch), k, after[k], from, to) {
      StampedIsNew(cfg, env, before, Winners(batch), k, after[k], from, to);
    }
  }

  lemma StampedIsNew(cfg: Config, env: Env, before: Table, w: map<string, Op>, k: string, row: Row, from: nat, to: nat)
    requires OldOrStamped(cfg, env, before, w, k, row, from, to)
    ensures OldOrNew(cfg, env, before, w, k, row, from, to)
  {
  }

  lemma {:induction false} OnlyDeleted(cfg: Config, env: Env, batch: seq<Op>, before: Table, from: nat, to: nat)
    ensures AllOldOrNew(cfg, env, before, Winners(batch), Delete(before, Ids(batch)), from, to)
  {
    hide OldOrStamped;
  }

  /** A flush whose deletes went through and whose inserts did as well. */
  lemma {:induction false} FlushedBoth(cfg: Config, sch: Schema, env: Env, batch: seq<Op>, c: Conn, d: Conn, f: Conn)
    requires batch != [] && Winners(batch) != map[] && CalmFor(env, c.tick, FlushTicks(batch)) && f.tick == c.tick + FlushTicks(batch)
    requires d.committed == Delete(c.committed, Ids(batch)) && c.tick <= d.tick
    requires Idle(sch, f) && f.committed.Keys == d.committed.Keys + Winners(batch).Keys
    requires AllStamped(cfg, env, d.committed, Winners(batch), f.committed, d.tick + 1, f.tick)
    ensures Flushed(cfg, sch, env, batch, c, f, true)
  {
    hide *;
    AppliedBoth(cfg, env, batch, c.committed, d.committed, f.committed, c.tick, d.tick + 1, f.tick);
    MakeFlushed(cfg, sch, env, batch, c, f, true);
  }

  /** A flush whose deletes went through and whose inserts failed. */
  lemma {:induction false} FlushedHalf(cfg: Config, sch: Schema, env: Env, batch: seq<Op>, c: Conn, f: Conn)
    requires batch != [] && Winners(batch) != map[] && !CalmFor(env, c.tick, FlushTicks(batch)) && c.tick <= f.tick
    requires Ended(f) && f.committed == Delete(c.committed, Ids(batch))
    ensures Flushed(cfg, sch, env, batch, c, f, false)
  {
    hide *;
    OnlyDeleted(cfg, env, batch, c.committed, c.tick, f.tick);
    MakeFlushed(cfg, sch, env, batch, c, f, false);
  }

  lemma {:induction false} TicksOfBoth(batch: seq<Op>)
    requires batch != [] && Winners(batch) != map[]
    ensures FlushTicks(batch) == 3 + (|Winners(batch)| + 2)
  {
  }

  lemma {:induction false} MakeFlushed(cfg: Config, sch: Schema, env: Env, batch: seq<Op>, c: Conn, c': Conn, ok: bool)
    requires (ok <==> CalmFor(env, c.tick, FlushTicks(batch))) && (ok ==> c'.tick == c.tick + FlushTicks(batch)) && c.tick <= c'.tick
    requires ok ==> Idle(sch, c') && View(cfg, c'.committed) == ApplyBatch(View(cfg, c.committed), batch, RowOf(cfg))
    requires !ok ==> Ended(c') && (c'.committed == c.committed || c'.committed == Delete(c.committed, Ids(batch)))
    requires AllOldOrNew(cfg, env, c.committed, Winners(batch), c'.committed, c.tick, c'.tick)
    ensures Flushed(cfg, sch, env, batch, c, c', ok)
  {
  }

  lemma {:induction false} CalmBoth(env: Env, tick: nat, mid: nat, batch: seq<Op>)
    requires batch != [] && Winners(batch) != map[] && mid == tick + 3
    ensures CalmFor(env, tick, FlushTicks(batch)) <==> CalmFor(env, tick, 3) && CalmFor(env, mid, |Winners(batch)| + 2)
    ensures FlushTicks(batch) == 5 + |Winners(batch)|
  {
    TicksOfBoth(batch);
    CalmSplit(env, tick, 3, |Winners(batch)| + 2);
  }

  lemma {:induction false} DeletesThenInserts(cfg: Config, sch: Schema, env: Env, batch: seq<Op>, c: Conn, d: Conn)
    requires env.Valid() && Fits(cfg, sch) && IdsUnconverted(cfg) && CleanBatch(cfg, batch) && Idle(sch, c) && batch != []
    requires FlushDeletes(cfg, sch, env, batch, c) == (d, true) && Winners(batch) != map[]
    ensures var f := FlushInserts(cfg, sch, env, batch, d); Flushed(cfg, sch, env, batch, c, f.0, f.1)
  {
    hide *;
    DeleteHalf(cfg, sch, env, batch, c);
    assert forall k :: k in Winners(batch) ==> k !in d.committed by { DeletedFirst(cfg, env, c.committed, batch, c.tick, d.tick); }
    InsertHalf(cfg, sch, env, batch, d);
    CalmBoth(env, c.tick, d.tick, batch);
    var (f, ok) := FlushInserts(cfg, sch, env, batch, d);
    if ok {
      FlushedBoth(cfg, sch, env, batch, c, d, f);
    } else {
      FlushedHalf(cfg, sch, env, batch, c, f);
    }
  }

  lemma {:induction false} FlushMeans(cfg: Config, sch: Schema, env: Env, batch: seq<Op>, c: Conn)
    requires env.Valid() && Fits(cfg, sch) && IdsUnconverted(cfg) && CleanBatch(cfg, batch) && Idle(sch, c)
    ensures var f := Flush(cfg, sch, env, batch, c); Flushed(cfg, sch, env, batch, c, f.0, f.1)
  {
    IdsExact(batch);
    if batch == [] {
      CalmOnce(env, c.tick);
      ApplyNothing(View(cfg, c.committed), RowOf(cfg));
    } else {
      hide Flushed;
      if !FlushDeletes(cfg, sch, env, batch, c).1 {
        DeletesFail(cfg, sch, env, batch, c);
      } else if Winners(batch) == map[] {
        NothingToInsert(cfg, sch, env, batch, c);
      } else {
        DeletesThenInserts(cfg, sch, env, batch, c, FlushDeletes(cfg, sch, env, batch, c).0);
      }
    }
  }

  /** A table that keeps the untouched rows and holds the stamped winners is the batch applied, apart from stamps. */
  lemma {:induction false} ApplyByKeys(cfg: Config, env: Env, before: Table, after: Table, batch: seq<Op>, from: nat, to: nat)
    requires after.Keys == Delete(before, Ids(batch)).Keys + Winners(batch).Keys
    requires forall k :: k in after ==> OldOrStamped(cfg, env, before, Winners(batch), k, after[k], from, to)
    ensures View(cfg, after) == ApplyBatch(View(cfg, before), batch, RowOf(cfg))
  {
    hide RowAt;
    hide Content;
    hide Ids;
    hide Winners;
    hide WithoutStamp;
    var w, a := Winners(batch), ApplyBatch(View(cfg, before), batch, RowOf(cfg));
    forall k | k in after ensures k in a && View(cfg, after)[k] == a[k] {
      assert OldOrStamped(cfg, env, before, w, k, after[k], from, to);
      if k in w {
        var n: nat :| from <= n < to && after[k] == RowAt(cfg, env, w[k], n);
        StampIsHidden(cfg, env, w[k], n);
      }
    }
    assert View(cfg, after).Keys == a.Keys;
  }
}
