/** What a writer sends for its configuration, and its steps as functions of the batch and the connection. */
module WriterSpec {
  import opened Basics
  import opened RowItems
  import opened Batches
  import opened Statements
  import opened SqlText
  import opened Database
  import Timestamps

  datatype Mapping = Mapping(property: string, kind: string)

  datatype Config = Config(
    table: string,
    idColumn: string,
    sinceColumn: string,
    sincePrecision: string,
    flushThreshold: int,
    mappings: seq<Mapping>)

  /** An entity and what the mapper makes of it: its SetValue calls, or nothing when mapping fails. */
  datatype Entity = Entity(cells: Option<Cells>, recorded: nat, isDeleted: bool)

  // ---------------------------------------------------------------- literals

  datatype Conversion = Unchanged | ToDateTime | ToTimestamp

  /** The first mapping of the column that names a time type decides. */
  function ConversionOf(mappings: seq<Mapping>, col: string): Conversion {
    if mappings == [] then Unchanged
    else if mappings[0].property == col && mappings[0].kind == "datetime" then ToDateTime
    else if mappings[0].property == col && mappings[0].kind == "timestamp" then ToTimestamp
    else ConversionOf(mappings[1..], col)
  }

  function LitFor(mappings: seq<Mapping>, v: Value, col: string): Lit {
    match v
    case VStr(s) => (
      match ConversionOf(mappings, col)
      case Unchanged => LText(s)
      case c =>
        match Timestamps.Convert(s, c.ToTimestamp?)
        case None => LNull
        case Some(text) => LText(text))
    case VNil => LNull
    case VBool(b) => LText(if b then "true" else "false")
    case VInt(n) => LNum(n)
  }

  function SqlVal(mappings: seq<Mapping>, v: Value, col: string): string { LitText(LitFor(mappings, v, col)) }

  function Precision(cfg: Config): string { if cfg.sincePrecision != "" then cfg.sincePrecision else "6" }

  // ---------------------------------------------------------------- statements

  function NameLits(cells: Cells): (r: seq<Lit>)
    ensures |r| == |cells|
  {
    seq(|cells|, i requires 0 <= i < |cells| => LName(Lower(cells[i].0)))
  }

  function CellLits(mappings: seq<Mapping>, cells: Cells): (r: seq<Lit>)
    ensures |r| == |cells|
  {
    seq(|cells|, i requires 0 <= i < |cells| => LitFor(mappings, cells[i].1, cells[i].0))
  }

  function InsertStmt(cfg: Config, cells: Cells): Stmt {
    var stamped := cfg.sinceColumn != "";
    InsertRow(cfg.table,
              NameLits(cells) + if stamped then [LName(Lower(cfg.sinceColumn))] else [],
              CellLits(cfg.mappings, cells) + if stamped then [LNow(Precision(cfg))] else [])
  }

  /** Ids are rendered as values of a column named id, whatever the id column is called. */
  function IdLits(cfg: Config, ids: seq<string>): (r: seq<Lit>)
    ensures |r| == |ids|
  {
    seq(|ids|, i requires 0 <= i < |ids| => LitFor(cfg.mappings, VStr(ids[i]), "id"))
  }

  function DeleteStmt(cfg: Config, ids: seq<string>): Stmt { DeleteIn(cfg.table, cfg.idColumn, IdLits(cfg, ids)) }

  /** The inserts of a batch in the order in which the map of winners is ranged over. */
  function InsertStmts(cfg: Config, w: map<string, Op>, order: seq<string>): (r: seq<Stmt>)
    requires forall k :: k in order ==> k in w
    ensures |r| == |order|
  {
    seq(|order|, i requires 0 <= i < |order| => assert order[i] in order; InsertStmt(cfg, w[order[i]].cells))
  }

  // ---------------------------------------------------------------- steps

  /** The write an entity stands for, unless mapping fails or the id column holds no string. */
  function Accept(cfg: Config, e: Entity): Option<Op> {
    if e.cells.None? then None
    else
      var fields := MapOf(e.cells.value);
      if cfg.idColumn in fields && fields[cfg.idColumn].VStr? then
        Some(Op(fields[cfg.idColumn].s, e.recorded, e.isDeleted, e.cells.value))
      else None
  }

  /** The mapped item's id column is missing or holds no string: the type assertion on it panics. */
  predicate Panics(cfg: Config, e: Entity) {
    e.cells.Some? &&
    var fields := MapOf(e.cells.value);
    !(cfg.idColumn in fields && fields[cfg.idColumn].VStr?)
  }

  datatype Machine = Machine(batch: seq<Op>, conn: Conn)

  /** A block, with a rollback when it fails. */
  function Attempt(sch: Schema, env: Env, c: Conn, text: string): (Conn, bool) {
    var r := Exec(sch, env, c, text);
    if r.1 then r else (Rollback(env, r.0).0, false)
  }

  function FlushDeletes(cfg: Config, sch: Schema, env: Env, batch: seq<Op>, c: Conn): (Conn, bool) {
    Attempt(sch, env, c, BlockText([DeleteStmt(cfg, Ids(batch))]))
  }

  function FlushInserts(cfg: Config, sch: Schema, env: Env, batch: seq<Op>, c: Conn): (Conn, bool)
    requires env.Valid()
  {
    var keys := Winners(batch).Keys;
    assert IsListing(env.order(keys, c.tick), keys);
    Attempt(sch, env, c, BlockText(InsertStmts(cfg, Winners(batch), env.order(keys, c.tick))))
  }

  /** Deletes first, then the inserts in a block of their own. */
  function Flush(cfg: Config, sch: Schema, env: Env, batch: seq<Op>, c: Conn): (Conn, bool)
    requires env.Valid()
  {
    if Size(batch) == 0 then (c, true)
    else
      var d := FlushDeletes(cfg, sch, env, batch, c);
      if !d.1 || Winners(batch) == map[] then d else FlushInserts(cfg, sch, env, batch, d.0)
  }

  /** Flush in its three cases. */
  lemma {:induction false} FlushCases(cfg: Config, sch: Schema, env: Env, batch: seq<Op>, c: Conn)
    requires env.Valid()
    ensures Size(batch) == 0 ==> Flush(cfg, sch, env, batch, c) == (c, true)
    ensures var d := FlushDeletes(cfg, sch, env, batch, c);
            Size(batch) != 0 ==>
              Flush(cfg, sch, env, batch, c) == if !d.1 || Winners(batch) == map[] then d else FlushInserts(cfg, sch, env, batch, d.0)
  {
  }

  function Write(cfg: Config, sch: Schema, env: Env, m: Machine, e: Entity): (Machine, bool)
    requires env.Valid()
  {
    match Accept(cfg, e)
    case None => (m, false)
    case Some(op) => WriteOp(cfg, sch, env, m, op)
  }

  function WriteOp(cfg: Config, sch: Schema, env: Env, m: Machine, op: Op): (Machine, bool)
    requires env.Valid()
  {
    var batch := m.batch + [op];
    if Size(batch) >= cfg.flushThreshold then
      var f := Flush(cfg, sch, env, batch, m.conn);
      (Machine(if f.1 then [] else batch, f.0), f.1)
    else (Machine(batch, m.conn), true)
  }

  /** Close flushes and commits, and keeps the buffers as they are. */
  function Close(cfg: Config, sch: Schema, env: Env, m: Machine): (Machine, bool)
    requires env.Valid()
  {
    var f := Flush(cfg, sch, env, m.batch, m.conn);
    if !f.1 then (Machine(m.batch, f.0), false)
    else
      var c := Commit(env, f.0);
      (Machine(m.batch, c.0), c.1)
  }
}
