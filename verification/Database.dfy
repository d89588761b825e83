/**
 * A small database: one table with a primary key, atomic BEGIN ... COMMIT blocks,
 * statements that may fail, a clock, and a transaction that ends with Commit or Rollback.
 */
module Database {
  import opened Basics
  import opened Timestamps
  import opened Statements

  datatype Cell = Null | Text(s: string) | Num(n: int) | Stamp(t: Time)

  /** Cells by lower-cased column name. */
  type Row = map<string, Cell>

  /** Rows by the text of their primary key. */
  type Table = map<string, Row>

  /** Name of the table and lower-cased name of its key column. */
  datatype Schema = Schema(name: string, key: string)

  /**
   * What the program does not decide. Statements are numbered as the connection sends them:
   * whether number n fails, what the clock reads at it, and in which order Go ranges over a
   * map when n statements have been sent.
   */
  datatype Env = Env(fails: nat -> bool, time: nat -> Time, order: (set<string>, nat) -> seq<string>)
  {
    ghost predicate Valid() {
      forall keys: set<string>, n: nat :: IsListing(order(keys, n), keys)
    }
  }

  // ---------------------------------------------------------------- statements

  function CellOf(l: Lit, now: Time): Option<Cell> {
    match l
    case LText(s) => Some(Text(s))
    case LNum(n) => Some(Num(n))
    case LNull => Some(Null)
    case LNow(p) => (
      match ParseNat(p)
      case Some(digits) => if digits <= 6 then Some(Stamp(CutTo(now, digits))) else None
      case None => None)
    case LName(_) => None
  }

  function CellIn(row: Row, col: string): Cell { if col in row then row[col] else Null }

  /** The row of an INSERT; a column named twice, or a count that differs, is an error. */
  function MakeRow(cols: seq<Lit>, vals: seq<Lit>, now: Time): Option<Row> {
    if |cols| != |vals| then None
    else if cols == [] then Some(map[])
    else
      var c, v := cols[|cols| - 1], CellOf(vals[|vals| - 1], now);
      match MakeRow(cols[..|cols| - 1], vals[..|vals| - 1], now)
      case None => None
      case Some(row) => if c.LName? && v.Some? && Lower(c.w) !in row then Some(row[Lower(c.w) := v.value]) else None
  }

  /** SQL's IN: NULL is in no list. */
  predicate InList(c: Cell, lits: seq<Lit>, now: Time) {
    c != Null && exists l :: l in lits && CellOf(l, now) == Some(c)
  }

  function ExecStmt(sch: Schema, t: Table, s: Stmt, now: Time): Option<Table> {
    if s.table != sch.name then None
    else match s
      case DeleteIn(_, col, lits) =>
        if exists l :: l in lits && CellOf(l, now).None? then None
        else Some(map k | k in t && !InList(CellIn(t[k], Lower(col)), lits, now) :: t[k])
      case InsertRow(_, cols, vals) =>
        match MakeRow(cols, vals, now)
        case None => None
        case Some(row) =>
          var key := CellIn(row, sch.key);
          if key.Text? && key.s !in t then Some(t[key.s := row]) else None
  }

  datatype Outcome = Outcome(ok: bool, table: Table, tick: nat)

  /** Statements one after the other; the table holds what was done before the first failure. */
  function RunStmts(sch: Schema, env: Env, t: Table, stmts: seq<Stmt>, tick: nat): Outcome
    decreases |stmts|
  {
    if stmts == [] then Outcome(true, t, tick)
    else if env.fails(tick) then Outcome(false, t, tick + 1)
    else match ExecStmt(sch, t, stmts[0], env.time(tick))
      case None => Outcome(false, t, tick + 1)
      case Some(t') => RunStmts(sch, env, t', stmts[1..], tick + 1)
  }

  // ---------------------------------------------------------------- connections

  /** What others see, what this transaction has done, whether it has ended, statements sent so far. */
  datatype Conn = Conn(committed: Table, working: Table, done: bool, tick: nat)

  /** Sends the text of a block. BEGIN commits what was pending; a failure leaves the block open. */
  function Exec(sch: Schema, env: Env, c: Conn, text: string): (Conn, bool) {
    if c.done then (c, false)
    else match ParseBlock(text)
      case None => (c.(tick := c.tick + 1), false)
      case Some(stmts) =>
        if env.fails(c.tick) then (c.(tick := c.tick + 1), false)
        else
          var r := RunStmts(sch, env, c.working, stmts, c.tick + 1);
          if !r.ok then (Conn(c.working, r.table, false, r.tick), false)
          else if env.fails(r.tick) then (Conn(c.working, r.table, false, r.tick + 1), false)
          else (Conn(r.table, r.table, false, r.tick + 1), true)
  }

  /** The transaction is over whether or not the server answers. */
  function Rollback(env: Env, c: Conn): (Conn, bool) {
    if c.done then (c, false) else (Conn(c.committed, c.committed, true, c.tick + 1), !env.fails(c.tick))
  }

  function Commit(env: Env, c: Conn): (Conn, bool) {
    if c.done then (c, false)
    else if env.fails(c.tick) then (Conn(c.committed, c.committed, true, c.tick + 1), false)
    else (Conn(c.working, c.working, true, c.tick + 1), true)
  }

  /** A transaction object as database/sql hands it out. */
  class Tx {
    const sch: Schema
    const env: Env
    var committed: Table
    var working: Table
    var done: bool
    var tick: nat

    constructor (sch: Schema, env: Env, table: Table, tick: nat)
      ensures this.sch == sch && this.env == env && State() == Conn(table, table, false, tick)
    {
      this.sch, this.env := sch, env;
      committed, working, done, this.tick := table, table, false, tick;
    }

    function State(): Conn
      reads this
    {
      Conn(committed, working, done, tick)
    }

    method SetState(c: Conn)
      modifies this
      ensures State() == c
    {
      committed, working, done, tick := c.committed, c.working, c.done, c.tick;
    }

    method ExecContext(text: string) returns (ok: bool)
      modifies this
      ensures (State(), ok) == Exec(sch, env, old(State()), text)
    {
      var r := Exec(sch, env, State(), text);
      SetState(r.0);
      ok := r.1;
    }

    method RollbackTx() returns (ok: bool)
      modifies this
      ensures (State(), ok) == Rollback(env, old(State()))
    {
      var r := Rollback(env, State());
      SetState(r.0);
      ok := r.1;
    }

    method CommitTx() returns (ok: bool)
      modifies this
      ensures (State(), ok) == Commit(env, old(State()))
    {
      var r := Commit(env, State());
      SetState(r.0);
      ok := r.1;
    }
  }

  // ---------------------------------------------------------------- what the database keeps

  /** Every row carries its own key. */
  ghost predicate Keyed(sch: Schema, t: Table) {
    forall k :: k in t ==> CellIn(t[k], sch.key) == Text(k)
  }

  lemma StmtKeepsKeys(sch: Schema, t: Table, s: Stmt, now: Time)
    requires Keyed(sch, t) && ExecStmt(sch, t, s, now).Some?
    ensures Keyed(sch, ExecStmt(sch, t, s, now).value)
  {
  }

  lemma {:induction false} RunKeepsKeys(sch: Schema, env: Env, t: Table, stmts: seq<Stmt>, tick: nat)
    requires Keyed(sch, t)
    ensures Keyed(sch, RunStmts(sch, env, t, stmts, tick).table)
    ensures RunStmts(sch, env, t, stmts, tick).tick >= tick
    decreases |stmts|
  {
    if stmts != [] && !env.fails(tick) && ExecStmt(sch, t, stmts[0], env.time(tick)).Some? {
      StmtKeepsKeys(sch, t, stmts[0], env.time(tick));
      RunKeepsKeys(sch, env, ExecStmt(sch, t, stmts[0], env.time(tick)).value, stmts[1..], tick + 1);
    }
  }
}
